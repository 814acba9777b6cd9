/** Facts about products, quotients and sequences that the solver is told, not asked. */
module Facts {
  lemma MulNonNegative(x: int, y: int)
    requires x >= 0 && y >= 0
    ensures x * y >= 0
  {
  }

  lemma MulAdd(a: int, b: int, n: int)
    ensures (a + b) * n == a * n + b * n
  {
  }

  lemma Subtract(a: int, b: int, n: int)
    ensures (a - b) * n == a * n - b * n
  {
  }

  lemma MulLe(a: int, b: int, n: int)
    requires 0 <= n && a <= b
    ensures a * n <= b * n
  {
    Subtract(b, a, n);
    MulNonNegative(b - a, n);
  }

  lemma MulStrict(a: int, b: int, n: int)
    requires a < b && 0 < n
    ensures a * n < b * n
  {
    MulLe(a + 1, b, n);
    MulAdd(a, 1, n);
  }

  lemma MulLess(a: int, b: int, n: int)
    requires 0 < n && a * n < b * n
    ensures a < b
  {
    if a >= b { MulLe(b, a, n); }
  }

  lemma DivOfSum(q: nat, i: nat, n: nat)
    requires i < n
    ensures (q * n + i) / n == q && (q * n + i) % n == i
  {
    var x := q * n + i;
    var a, b := x / n, x % n;
    assert x == a * n + b;
    Subtract(a, q, n);
    if a > q { MulLe(1, a - q, n); } else if a < q { MulLe(a - q, -1, n); }
  }

  /** Counting on modulo m. */
  lemma Successor(g: nat, m: nat)
    requires m > 0
    ensures (g + 1) % m == if g % m + 1 == m then 0 else g % m + 1
  {
    var q, r := g / m, g % m;
    assert g == q * m + r;
    if r + 1 == m {
      MulAdd(q, 1, m);
      DivOfSum(q + 1, 0, m);
    } else {
      DivOfSum(q, r + 1, m);
    }
  }

  lemma SmallMod(x: int, m: int)
    requires 0 <= x < m
    ensures x % m == x
  {
  }

  lemma SelfMod(x: int)
    requires x > 0
    ensures x % x == 0
  {
  }

  lemma Assoc<T>(a: seq<T>, b: seq<T>, c: seq<T>)
    ensures (a + b) + c == a + (b + c)
  {
  }
}
