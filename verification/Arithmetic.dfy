/** The little nonlinear arithmetic that row-major offsets, splits and round-robin turns need. */
module Arithmetic {
  lemma Gap(p: nat, q: nat, n: nat)
    requires p > q
    ensures p * n >= q * n + n
  {
    assert p * n == (p - q - 1) * n + (q + 1) * n;
  }

  /** q and r are the quotient and the remainder. */
  lemma DivMod(a: nat, n: nat, q: nat, r: nat)
    requires a == q * n + r && r < n
    ensures a / n == q && a % n == r
  {
    var p, s := a / n, a % n;
    assert a == p * n + s;
    if p > q {
      Gap(p, q, n);
    } else if p < q {
      Gap(q, p, n);
    }
  }

  lemma NextTurn(m: nat, n: nat)
    requires n > 0
    ensures (m + 1) % n == if m % n + 1 >= n then 0 else m % n + 1
    ensures (m + 1) / n == m / n + if m % n + 1 >= n then 1 else 0
  {
    var q, r := m / n, m % n;
    assert m == q * n + r;
    if r + 1 >= n {
      assert m + 1 == (q + 1) * n + 0;
      DivMod(m + 1, n, q + 1, 0);
    } else {
      DivMod(m + 1, n, q, r + 1);
    }
  }

  lemma Quotient(a: nat, n: nat, b: nat)
    requires a < n * b
    ensures b > 0 && a / b < n
  {
    if b == 0 {
    } else {
      var q, r := a / b, a % b;
      assert a == q * b + r;
      if q > n {
        Gap(q, n, b);
      }
    }
  }

  /** A place in row q comes before row n exactly when q does. */
  lemma InRow(q: nat, r: nat, n: nat, width: nat)
    requires r < width
    ensures q * width + r < n * width <==> q < n
  {
    if q < n {
      Gap(n, q, width);
    } else if q > n {
      Gap(q, n, width);
    }
  }
}
