/** Facts about products, quotients and remainders of integers that the other modules lean on. */
module Arithmetic {

  lemma MulLe(a: int, b: int, c: int)
    requires a <= b && 0 <= c
    ensures a * c <= b * c
  {
    assert (b - a) * c >= 0;
    assert (b - a) * c == b * c - a * c;
  }

  lemma MulAssoc(a: int, b: int, c: int)
    ensures a * (b * c) == (a * b) * c
  {
  }

  lemma DivModUnique(n: int, d: int, q: int, r: int)
    requires d > 0 && 0 <= r < d && n == q * d + r
    ensures n / d == q && n % d == r
  {
    var q', r' := n / d, n % d;
    assert n == q' * d + r';
    assert (q + 1) * d == q * d + d && (q' + 1) * d == q' * d + d;
    if q < q' {
      MulLe(q + 1, q', d);
    } else if q' < q {
      MulLe(q' + 1, q, d);
    }
  }

  lemma DivModParts(n: int, d: int)
    requires d > 0
    ensures n == (n / d) * d + n % d && 0 <= n % d < d
  {
  }

  /** Division by a product divides twice, and the remainder splits at the same boundary. */
  lemma DivModSplit(n: nat, a: nat, b: nat)
    requires a > 0 && b > 0
    ensures a * b > 0
    ensures n / (a * b) == n / a / b
    ensures n % (a * b) == n % a + a * (n / a % b)
  {
    var q, m := n / a / b, n / a % b;
    DivModParts(n, a);
    DivModParts(n / a, b);
    var r := n % a + a * m;
    MulLe(0, b - 1, a);
    MulLe(m, b - 1, a);
    MulLe(1, b, a);
    calc {
      n;
      (n / a) * a + n % a;
      (q * b + m) * a + n % a;
      { Expand(q, b, m, a); }
      q * (a * b) + r;
    }
    assert (b - 1) * a == a * b - a;
    assert a * m == m * a;
    DivModUnique(n, a * b, q, r);
  }

  lemma Expand(q: int, b: int, m: int, a: int)
    ensures (q * b + m) * a == q * (a * b) + a * m
  {
    assert (q * b + m) * a == (q * b) * a + m * a;
    assert (q * b) * a == q * (b * a);
  }

  lemma ModAdd(a: int, b: int, m: int)
    requires m > 0
    ensures (a % m + b) % m == (a + b) % m
  {
    DivModParts(a, m);
    DivModParts(a % m + b, m);
    var q := a / m + (a % m + b) / m;
    assert q * m == (a / m) * m + ((a % m + b) / m) * m;
    DivModUnique(a + b, m, q, (a % m + b) % m);
  }

  /** Two numbers have one remainder just when the modulus divides their difference. */
  lemma ModEqual(a: int, b: int, m: int)
    requires m > 0
    ensures a % m == b % m <==> (a - b) % m == 0
  {
    DivModParts(a, m);
    DivModParts(b, m);
    DivModParts(a - b, m);
    if a % m == b % m {
      assert (a / m - b / m) * m == (a / m) * m - (b / m) * m;
      DivModUnique(a - b, m, a / m - b / m, 0);
    }
    if (a - b) % m == 0 {
      var q := (a - b) / m + b / m;
      assert q * m == ((a - b) / m) * m + (b / m) * m;
      DivModUnique(a, m, q, b % m);
    }
  }

  /** The least number of d-sized portions that cover n. */
  function CeilDiv(n: nat, d: nat): nat
    requires d > 0
  {
    (n + d - 1) / d
  }

  lemma CeilDivUnique(n: nat, d: nat, q: nat)
    requires d > 0
    requires q * d - d < n <= q * d
    ensures CeilDiv(n, d) == q
  {
    DivModUnique(n + d - 1, d, q, n + d - 1 - q * d);
  }
}
