/** Laws of products and quotients. */
module NumberLaws {
  lemma MulMonotone(a: nat, b: nat, c: nat)
    requires a <= b
    ensures a * c <= b * c
  {}

  lemma DivUnique(n: nat, c: nat, q: nat, r: nat)
    requires c > 0 && r < c && n == q * c + r
    ensures n / c == q && n % c == r
  {
    if n / c < q {
      MulMonotone(n / c + 1, q, c);
    } else if n / c > q {
      MulMonotone(q + 1, n / c, c);
    }
  }

  lemma DivMonotone(m: nat, n: nat, c: nat)
    requires c > 0 && m <= n
    ensures m / c <= n / c
  {
    if m / c > n / c {
      MulMonotone(n / c + 1, m / c, c);
    }
  }

  // The quotient grows exactly at the multiples.
  lemma NextMultiple(n: nat, d: nat)
    requires d > 0
    ensures (n + d) / d == (n + d - 1) / d + if n % d == 0 then 1 else 0
  {
    var q, r := n / d, n % d;
    DivUnique(n + d, d, q + 1, r);
    if r == 0 { DivUnique(n + d - 1, d, q, d - 1); } else { DivUnique(n + d - 1, d, q + 1, r - 1); }
  }

  lemma MultipleOf(y: nat, a: nat, b: nat)
    requires a > 0 && b > 0
    ensures a * b > 0 && (y % (a * b) == 0 ==> y % b == 0)
  {
    if y % (a * b) == 0 {
      var k := y / (a * b);
      assert y == k * (a * b) == (k * a) * b;
      DivUnique(y, b, k * a, 0);
    }
  }

  lemma MultipleDropped(k: nat, t: nat, d: nat)
    requires d > 0
    ensures (k * d + t) % d == t % d
  {
    assert k * d + t == (k + t / d) * d + t % d;
    DivUnique(k * d + t, d, k + t / d, t % d);
  }
}
