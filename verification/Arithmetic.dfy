/** Division and scaling facts the other modules lean on. */
module Arithmetic {

  lemma Stretch(a: int, k: nat)
    requires a >= 1
    ensures a * k >= k
  {
    assert (a - 1) * k >= 0;
  }

  lemma DivMod(q: nat, r: nat, k: nat)
    requires r < k
    ensures (q * k + r) / k == q && (q * k + r) % k == r
  {
    var m := q * k + r;
    var gap := m / k - q;
    assert m == m / k * k + m % k;
    assert gap * k == m / k * k - q * k;
    assert -gap * k == -(gap * k);
    if gap > 0 {
      Stretch(gap, k);
    } else if gap < 0 {
      Stretch(-gap, k);
    }
  }

  lemma Parts(n: nat, b: nat)
    requires 0 < b <= n
    ensures (n / b) * b + n % b == n && n % b < b && n / b >= 1
  {
  }

  /** Reducing before adding one changes nothing. */
  lemma Successor(m: nat, k: nat)
    requires k > 0
    ensures (m % k + 1) % k == (m + 1) % k
  {
    var q, r := m / k, m % k;
    var whole := q * k;
    assert m == whole + r;
    if r + 1 < k {
      DivMod(q, r + 1, k);
      DivMod(0, r + 1, k);
    } else {
      assert (q + 1) * k == whole + k;
      DivMod(q + 1, 0, k);
      DivMod(1, 0, k);
    }
  }

  lemma Nonnegative(a: real, b: real)
    requires a >= 0.0 && b >= 0.0
    ensures a * b >= 0.0
  {
  }

  /** A share of a non-negative quantity is at most all of it. */
  lemma Share(ratio: real, x: real)
    requires 0.0 <= ratio <= 1.0 && x >= 0.0
    ensures 0.0 <= ratio * x <= x
  {
    Nonnegative(ratio, x);
    Nonnegative(1.0 - ratio, x);
    assert (1.0 - ratio) * x == x - ratio * x;
  }

  /** Multiplication and division of reals, named so that proofs can set their definitions aside. */
  function Times(a: real, b: real): real { a * b }

  function Over(a: real, b: real): real
    requires b != 0.0
  {
    a / b
  }

  lemma TimesDistributes(c: real, a: real, b: real)
    ensures Times(c, a + b) == Times(c, a) + Times(c, b)
  {
  }

  lemma TimesCommutes(a: real, b: real)
    ensures Times(a, b) == Times(b, a)
  {
  }

  lemma TimesReorders(s: real, c: real, a: real)
    ensures Times(s, Times(c, a)) == Times(c, Times(s, a))
  {
  }

  lemma TimesZero(c: real)
    ensures Times(c, 0.0) == 0.0
  {
  }

  lemma TimesOne(c: real)
    ensures Times(c, 1.0) == c
  {
  }

  /** A positive factor keeps the sign. */
  lemma TimesSign(c: real, a: real)
    requires c > 0.0
    ensures a > 0.0 <==> Times(c, a) > 0.0
    ensures a >= 0.0 <==> Times(c, a) >= 0.0
  {
  }

  lemma TimesMonotone(x: real, y: real, u: real)
    requires x <= y && u >= 0.0
    ensures Times(x, u) <= Times(y, u)
  {
    Nonnegative(y - x, u);
    assert (y - x) * u == y * u - x * u;
  }

  lemma OverLaws(a: real, t: real)
    requires t > 0.0
    ensures Over(1.0, t) > 0.0 && Times(Over(1.0, t), t) == 1.0
    ensures Over(a, t) == Times(Over(1.0, t), a) && Times(t, Over(a, t)) == a
  {
  }

  lemma Cancels(c: real, a: real, t: real)
    requires c > 0.0 && t > 0.0
    ensures Times(c, t) > 0.0 && Over(Times(c, a), Times(c, t)) == Over(a, t)
  {
    var q := a / t;
    assert a == q * t;
    assert c * a == c * (q * t) == q * (c * t);
    assert (q * (c * t)) / (c * t) == q;
  }
}
