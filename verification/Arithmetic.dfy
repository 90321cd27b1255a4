/** The machine word, and facts about products and remainders that the verifier does not find by itself. */
module Arithmetic {

  const WORD: nat := 0x1_0000_0000

  lemma {:induction false} AtLeast(k: nat, p: nat)
    requires k > 0
    ensures k * p >= p
  {
    assert k * p == (k - 1) * p + p;
  }

  lemma {:induction false} ModOf(q: nat, p: nat, e: nat)
    requires e < p
    ensures (q * p + e) % p == e
  {
    var x := q * p + e;
    var (d, m) := (x / p, x % p);
    assert x == d * p + m;
    if d > q {
      AtLeast(d - q, p);
    } else if d < q {
      AtLeast(q - d, p);
    }
  }

  lemma {:induction false} ModSkips(a: nat, k: nat, m: nat)
    requires m > 0
    ensures (a + k * m) % m == a % m
  {
    var r := a % m;
    var q := a / m;
    assert a == q * m + r;
    assert a + k * m == (q + k) * m + r;
    ModOf(q + k, m, r);
  }

  lemma {:induction false} DivModUnique(i: int, n: int, q: int, m: int)
    requires n > 0 && i == q * n + m && 0 <= m < n
    ensures i / n == q && i % n == m
  {
    var d := i / n - q;
    assert i == (i / n) * n + i % n;
    assert d * n == m - i % n by {
      assert (i / n) * n == q * n + d * n;
    }
    assert d >= 1 ==> d * n >= n;
    assert d <= -1 ==> d * n <= -n;
  }

  /** The remainder by twice `m` is the remainder by `m`, or that plus `m`. */
  lemma {:induction false} ModDouble(x: nat, m: nat, d: nat)
    requires m > 0 && d == 2 * m
    ensures x % d == x % m || x % d == x % m + m
  {
    var (q, h) := (x / d, x % d);
    assert x == q * d + h;
    assert q * d == (2 * q) * m && (2 * q + 1) * m == q * d + m;
    if h < m {
      DivModUnique(x, m, 2 * q, h);
    } else {
      DivModUnique(x, m, 2 * q + 1, h - m);
    }
  }
}
