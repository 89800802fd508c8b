/** Facts about rounding division, kept apart from the modules that use them. */
module Division {
  lemma DivBounds(x: nat, c: nat)
    requires c > 0
    ensures (x / c) * c <= x < (x / c + 1) * c
  {
  }

  lemma CancelFactor(a: nat, b: nat, c: nat)
    requires a * c < b * c
    ensures a < b
  {
  }

  lemma DivUnique(x: nat, c: nat, q: nat)
    requires c > 0 && q * c <= x < (q + 1) * c
    ensures x / c == q
  {
    DivBounds(x, c);
    CancelFactor(q, x / c + 1, c);
    CancelFactor(x / c, q + 1, c);
  }

  lemma Distribute(x: nat, y: nat, c: nat)
    ensures (x + y) * c == x * c + y * c
  {
  }

  /** Rounding down twice loses at most one unit. */
  lemma DivStep(a: nat, b: nat, c: nat)
    requires c > 0
    ensures a / c + b / c <= (a + b) / c <= a / c + b / c + 1
  {
    var qa, qb := a / c, b / c;
    DivBounds(a, c);
    DivBounds(b, c);
    Distribute(qa, qb, c);
    Distribute(qa + 1, qb + 1, c);
    Distribute(qa + qb, 1, c);
    if a + b < (qa + qb + 1) * c {
      DivUnique(a + b, c, qa + qb);
    } else {
      DivUnique(a + b, c, qa + qb + 1);
    }
  }

  lemma CancelAtMost(a: nat, b: nat, c: nat)
    requires c > 0 && a * c <= b * c
    ensures a <= b
  {
  }

  lemma DivAtMost(n: nat, c: nat, m: nat)
    requires c > 0 && n <= m * c
    ensures n / c <= m
  {
    var q := n / c;
    assert q * c <= n by {
      DivBounds(n, c);
    }
    assert q * c <= m * c;
    CancelAtMost(q, m, c);
  }

  lemma ExactMultiple(m: nat, c: nat)
    requires c > 0
    ensures (m * c) / c == m && (m * c) % c == 0
  {
    Distribute(m, 1, c);
    DivUnique(m * c, c, m);
  }

  /** Taking away whole multiples keeps a multiple. */
  lemma LessMultiple(n: nat, m: nat, c: nat)
    requires c > 0 && n % c == 0 && m * c <= n
    ensures (n - m * c) % c == 0
  {
    var k := n / c;
    assert n == k * c;
    CancelAtMost(m, k, c);
    assert n - m * c == (k - m) * c by {
      Distribute(k - m, m, c);
    }
    ExactMultiple(k - m, c);
  }
}
