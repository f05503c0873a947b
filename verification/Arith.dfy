/** Facts about division and multiplication that the solver does not find by itself. */
module Arith {

  lemma {:induction false} MulAtLeast(n: nat, d: nat)
    requires d >= 1
    ensures n * d >= n
    decreases d
  {
    if d > 1 {
      MulAtLeast(n, d - 1);
      assert n * d == n * (d - 1) + n;
    }
  }

  lemma {:induction false} RoomForOneMore(k: nat, n: nat, s: nat)
    requires k < n
    ensures k * s + s <= n * s
    decreases n
  {
    assert n * s == (n - 1) * s + s;
    if k < n - 1 {
      RoomForOneMore(k, n - 1, s);
    }
  }

  lemma {:induction false} MulMono(a: nat, b: nat, n: nat)
    requires a <= b
    ensures a * n <= b * n
  {
    assert b * n == a * n + (b - a) * n;
  }

  lemma MulStep(n: nat, d: nat)
    ensures (n + 1) * d == n * d + d
  {
  }

  lemma MulAssoc(a: nat, b: nat, c: nat)
    ensures (a * b) * c == b * (a * c)
  {
  }

  /** Quotient and remainder are unique. */
  lemma DivModUnique(m: nat, n: nat, q: nat, a: nat)
    requires a < n && m == n * q + a
    ensures m / n == q && m % n == a
  {
    var q', a' := m / n, m % n;
    assert m == n * q' + a';
    assert n * (q' - q) == n * q' - n * q && n * (q - q') == n * q - n * q';
    if q < q' {
      MulAtLeast(n, q' - q);
    } else if q' < q {
      MulAtLeast(n, q - q');
    }
  }

  lemma DivTimes(m: nat, n: nat)
    requires n > 0
    ensures (m / n) * n <= m
  {
    assert m == n * (m / n) + m % n;
  }

  lemma NextResidue(m: nat, n: nat)
    requires n > 0
    ensures (m + 1) % n == if m % n == n - 1 then 0 else m % n + 1
    ensures (m + 1) / n == if m % n == n - 1 then m / n + 1 else m / n
  {
    var q, a := m / n, m % n;
    assert m == n * q + a;
    if a == n - 1 {
      assert n * (q + 1) == n * q + n;
      DivModUnique(m + 1, n, q + 1, 0);
    } else {
      DivModUnique(m + 1, n, q, a + 1);
    }
  }

  /** Any `n` consecutive numbers meet each residue. */
  lemma HitResidue(m: nat, n: nat, p: nat) returns (c: nat)
    requires p < n
    ensures m <= c < m + n && c % n == p
  {
    var q, a := m / n, m % n;
    assert m == n * q + a;
    if a <= p {
      c := m + p - a;
      DivModUnique(c, n, q, p);
    } else {
      c := m + n + p - a;
      assert n * (q + 1) == n * q + n;
      DivModUnique(c, n, q + 1, p);
    }
  }

  /** ... and meet it once. */
  lemma ResiduesDiffer(x: nat, y: nat, n: nat)
    requires n > 0 && x < y < x + n
    ensures x % n != y % n
  {
    if x % n == y % n {
      var q := x / n;
      assert x == n * q + x % n;
      var d := y - x;
      if x % n + d < n {
        DivModUnique(y, n, q, x % n + d);
      } else {
        assert n * (q + 1) == n * q + n;
        DivModUnique(y, n, q + 1, x % n + d - n);
      }
    }
  }
}
