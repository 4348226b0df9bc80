/** Small facts about division with a variable divisor, proved once. */
module Arith {

  lemma MulNonNeg(a: nat, b: nat)
    ensures a * b >= 0
  {}

  lemma MulLe(a: int, b: int, n: nat)
    requires a <= b
    ensures a * n <= b * n
  {}

  lemma DivMod(a: int, n: nat)
    requires n > 0
    ensures a == n * (a / n) + a % n
    ensures 0 <= a % n < n
  {}

  lemma ModAtMost(a: nat, n: nat)
    requires n > 0
    ensures a % n <= a
  {
    DivMod(a, n);
    assert a / n >= 0;
    MulNonNeg(n, a / n);
  }

  /** Quotient and remainder are determined by the division equation. */
  lemma DivModUnique(a: int, n: nat, q: int, r: int)
    requires n > 0 && a == n * q + r && 0 <= r < n
    ensures a / n == q && a % n == r
  {
    DivMod(a, n);
    var d := a / n - q;
    assert n * d == r - a % n by {
      assert n * d == n * (a / n) - n * q;
    }
    if d >= 1 {
      MulLe(1, d, n);
    } else if d <= -1 {
      MulLe(d, -1, n);
    }
  }

  lemma ModSmall(a: int, n: nat)
    requires 0 <= a < n
    ensures a % n == a && a / n == 0
  {
    DivModUnique(a, n, 0, a);
  }

  /** Scaling both operands scales the remainder. */
  lemma ScaleMod(b: nat, x: int, n: nat)
    requires b > 0 && n > 0
    ensures b * n > 0
    ensures (b * x) % (b * n) == b * (x % n)
  {
    DivMod(x, n);
    assert b * n > 0;
    calc {
      b * x;
      b * (n * (x / n) + x % n);
      (b * n) * (x / n) + b * (x % n);
    }
    MulLe(x % n, n - 1, b);
    assert b * (x % n) < b * n;
    assert 0 <= b * (x % n) by { MulNonNeg(b, x % n); }
    DivModUnique(b * x, b * n, x / n, b * (x % n));
  }

  /** Adding a multiple of the divisor does not change the remainder. */
  lemma ModAddMultiple(a: int, k: int, n: nat)
    requires n > 0
    ensures (a + k * n) % n == a % n
    ensures (a + k * n) / n == a / n + k
  {
    DivMod(a, n);
    assert a + k * n == n * (a / n + k) + a % n;
    DivModUnique(a + k * n, n, a / n + k, a % n);
  }

  lemma DivNonNeg(a: nat, n: nat)
    requires n > 0
    ensures a / n >= 0
  {
    DivMod(a, n);
    var q := a / n;
    if q <= -1 { MulLe(q, -1, n); }
  }

  lemma Distribute(a: int, b: int, c: int)
    ensures (a + b) * c == a * c + b * c
  {}

  lemma Commute(a: int, b: int)
    ensures a * b == b * a
  {}

  /** An offset aligned to b inside a container of n slots of b bytes. */
  lemma SlotOf(a: nat, b: nat, n: nat)
    requires b > 0 && n > 0 && a % b == 0
    ensures b * n > 0
    ensures a % (b * n) == ((a / b) % n) * b
    ensures (a % (b * n)) / b == (a / b) % n
  {
    DivMod(a, b);
    ScaleMod(b, a / b, n);
    var slot := (a / b) % n;
    DivMod(a / b, n);
    Commute(b, slot);
    DivModUnique(b * slot, b, slot, 0);
  }

  /** Stepping by b bytes inside the container rotates the slots. */
  lemma RotateSlot(s: nat, k: nat, b: nat, n: nat)
    requires b > 0 && n > 0
    ensures b * n > 0
    ensures (s * b + k * b) % (b * n) == ((s + k) % n) * b
  {
    ScaleMod(b, s + k, n);
    Distribute(s, k, b);
    Commute(s + k, b);
    Commute((s + k) % n, b);
  }

  /** Steps from slot s round to slot t in a ring of n slots. */
  function StepsTo(s: nat, t: nat, n: nat): (k: nat)
    requires s < n && t < n
    ensures k < n
  {
    if t >= s then t - s else t - s + n
  }

  lemma StepsToReaches(s: nat, t: nat, n: nat, j: nat)
    requires s < n && t < n && j < n
    ensures (s + j) % n == t <==> j == StepsTo(s, t, n)
  {
    if s + j < n { ModSmall(s + j, n); } else { DivModUnique(s + j, n, 1, s + j - n); }
  }

  /** Blocks of n inside blocks of n * m: quotients compose. */
  lemma NestedBlock(a: nat, n: nat, m: nat, x: nat)
    requires n > 0 && m > 0 && a - a % n <= x < a - a % n + n
    ensures n * m > 0
    ensures x / (n * m) == (a / n) / m
  {
    var q := a / n;
    DivMod(a, n);
    DivNonNeg(a, n);
    DivMod(q, m);
    var low := x - n * q;
    var rest := q % m;
    calc {
      x;
      n * q + low;
      n * (m * (q / m) + rest) + low;
      (n * m) * (q / m) + (n * rest + low);
    }
    MulLe(rest + 1, m, n);
    MulNonNeg(rest, n);
    assert n * rest + low < n * m;
    DivModUnique(x, n * m, q / m, n * rest + low);
  }

  /** Aligned windows of n bytes nest inside aligned windows of n * m bytes. */
  lemma NestedWindow(a: nat, n: nat, m: nat)
    requires n > 0 && m > 0
    ensures n * m > 0
    ensures a - a % (n * m) <= a - a % n
    ensures a - a % n + n <= a - a % (n * m) + n * m
  {
    var w := n * m;
    var q, r := a / w, a % w;
    DivMod(a, w);
    assert a == r + (m * q) * n by { assert n * m * q == (m * q) * n; }
    ModAddMultiple(r, m * q, n);
    DivMod(r, n);
    ModAtMost(r, n);
    var k := r / n;
    if k >= m { MulLe(m, k, n); }
    MulLe(k, m - 1, n);
    Distribute(m - 1, 1, n);
  }

  lemma NextMultiple(a: nat, n: nat)
    requires n > 0
    ensures a < a - a % n + n <= a + n && (a - a % n + n) % n == 0
  {
    DivMod(a, n);
    Distribute(a / n, 1, n);
    Commute(n, a / n);
    DivModUnique(a - a % n + n, n, a / n + 1, 0);
  }
}
