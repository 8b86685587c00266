/** Facts about `%` that the ring's modular offsets rest on. */
module Modular {
  lemma MulBounds(n: int, d: int)
    requires 0 < n
    ensures d >= 1 ==> n * d >= n
    ensures d <= -1 ==> n * d <= -n
    ensures d == 0 ==> n * d == 0
  {
  }

  lemma MulMono(a: int, b: int, n: int)
    requires a <= b && 0 <= n
    ensures a * n <= b * n
  {
  }

  lemma Unique(x: int, q: int, r: int, n: int)
    requires 0 <= r < n
    requires x == n * q + r
    ensures x / n == q && x % n == r
  {
    var d := x / n - q;
    assert n * d == n * (x / n) - n * q;
    MulBounds(n, d);
  }

  lemma Shift(a: nat, i: nat, n: nat)
    requires 0 < n && a % n + i < n
    ensures (a + i) % n == a % n + i
  {
    Unique(a + i, a / n, a % n + i, n);
  }

  lemma NextBoundary(a: nat, n: nat)
    requires 0 < n
    ensures (a + (n - a % n)) % n == 0
  {
    Unique(a + (n - a % n), a / n + 1, 0, n);
  }

  lemma Distinct(a: nat, b: nat, n: nat)
    requires 0 < n && a < b < a + n
    ensures a % n != b % n
  {
    var k := b / n - a / n;
    assert n * k == n * (b / n) - n * (a / n);
    MulBounds(n, k);
    MulBounds(n, k - 1);
    assert n * (k - 1) == n * k - n;
  }

  lemma AddMod(a: int, b: int, n: int)
    requires 0 < n
    ensures (a % n + b) % n == (a + b) % n
  {
    var c := a % n + b;
    assert n * (a / n + c / n) == n * (a / n) + n * (c / n);
    Unique(a + b, a / n + c / n, c % n, n);
  }

  /** Reducing by a product: first by one factor, then the quotient by the other. */
  lemma Split(n: nat, u: nat, p: nat)
    requires 0 < u && 0 < p
    ensures 0 < u * p && n % (u * p) == n % u + u * (n / u % p)
  {
    var q, r := n / u / p, n / u % p;
    assert n / u == p * q + r;
    calc {
      n;
      u * (n / u) + n % u;
      u * (p * q + r) + n % u;
      { Assoc(u, p, q); }
      (u * p) * q + (u * r + n % u);
    }
    MulMono(r + 1, p, u);
    assert u * r + n % u < u * p;
    Unique(n, q, u * r + n % u, u * p);
  }

  lemma Assoc(a: int, b: int, c: int)
    ensures a * (b * c) == (a * b) * c
  {
  }

  /** If `u` divides both `a` and `n`, it divides `a % n`. */
  lemma Aligned(a: nat, n: nat, u: nat)
    requires 0 < u && 0 < n && n % u == 0 && a % u == 0
    ensures (a % n) % u == 0
  {
    var k := a / u - (n / u) * (a / n);
    calc {
      a % n;
      a - n * (a / n);
      u * (a / u) - (u * (n / u)) * (a / n);
      { assert (u * (n / u)) * (a / n) == u * ((n / u) * (a / n)); }
      u * k;
    }
    Unique(a % n, k, 0, u);
  }

  /** If `u` divides `n`, reducing by `n` first changes nothing modulo `u`. */
  lemma Residue(a: nat, n: nat, u: nat)
    requires 0 < u && 0 < n && n % u == 0
    ensures (a % n) % u == a % u
  {
    var k := a / u - (n / u) * (a / n);
    calc {
      a % n;
      a - n * (a / n);
      u * (a / u) + a % u - (u * (n / u)) * (a / n);
      { assert (u * (n / u)) * (a / n) == u * ((n / u) * (a / n)); }
      u * k + a % u;
    }
    Unique(a % n, k, a % u, u);
  }

  /** Two multiples of `u` are at least `u` apart. */
  lemma Room(a: nat, b: nat, u: nat)
    requires 0 < u && a % u == 0 && b % u == 0 && a < b
    ensures a + u <= b
  {
    assert u * (b / u - a / u) == b - a;
    MulBounds(u, b / u - a / u);
  }

  lemma Sum(a: int, b: int, u: nat)
    requires 0 < u && a % u == 0 && b % u == 0
    ensures (a + b) % u == 0
  {
    assert u * (a / u) + u * (b / u) == u * (a / u + b / u);
    Unique(a + b, a / u + b / u, 0, u);
  }

  /** Where the next lap starts is a multiple of whatever divides the ring length. */
  lemma LapAligned(a: nat, n: nat, u: nat)
    requires 0 < u && 0 < n && n % u == 0
    ensures (a + (n - a % n)) % u == 0
  {
    var k := (n / u) * (a / n + 1);
    calc {
      a + (n - a % n);
      n * (a / n + 1);
      (u * (n / u)) * (a / n + 1);
      u * k;
    }
    Unique(a + (n - a % n), k, 0, u);
  }
}
